/** The driver's register and message objects, updated in place; each method is tied to the
    operation on values that the theorems are about. */
module DriverObjects {
  import opened EngineState
  import opened Partition

  function Waiters(r: Reg, write: bool): (r': Reg)
    requires r.Valid()
    ensures r'.Valid() && r'.info == r.info
  {
    if write then r.(writeQueued := false, recInprog := r.recInprog + r.recWrite, recWrite := [])
    else r.(readQueued := false, recInprog := r.recInprog + r.recRead, recRead := [])
  }

  class DevReg {
    const info: Info
    var state: OpState
    var readQueued: bool
    var writeQueued: bool
    var memRx: seq<Word>
    var memTx: seq<Word>
    var received: seq<bool>
    var nremaining: nat
    var nextSend: nat
    var recInprog: seq<Action>
    var recWrite: seq<Action>
    var recRead: seq<Action>
    ghost var latest: bool
    // place in the register table
    ghost const index: nat

    constructor (info: Info, ghost index: nat)
      ensures Value() == FreshReg(info) && this.index == index
    {
      this.index := index;
      this.info := info;
      state, readQueued, writeQueued := Invalid, false, false;
      memRx, memTx, received := Zeros(info.size), Zeros(info.size), Flags(info.size);
      nremaining, nextSend := 0, info.size;
      recInprog, recWrite, recRead := [], [], [];
      latest := false;
    }

    ghost function Value(): Reg
      reads this
    {
      Reg(info, state, readQueued, writeQueued, memRx, memTx, received, nremaining, nextSend, recInprog, recWrite, recRead, latest)
    }

    predicate InProgress()
      reads this
    {
      state == Reading || state == Writing
    }

    /** process: hands over the actions of the operation, or all of them. */
    method Process(cancel: bool) returns (done: seq<Action>)
      modifies this
      ensures done == if cancel then Waiting(old(Value())) else old(recInprog)
      ensures Value() == if cancel then old(Value()).(recInprog := [], recWrite := [], recRead := []) else old(Value()).(recInprog := [])
    {
      done := recInprog;
      recInprog := [];
      if cancel {
        done := done + recWrite;
        recWrite := [];
        done := done + recRead;
        recRead := [];
      }
    }

    /** The idle branch of queue. */
    method Start(write: bool, action: Option<Action>)
      requires Value().Valid()
      modifies this
      ensures Value() == Started(old(Value()), write, action)
    {
      received := Flags(|received|);
      nremaining := |received|;
      nextSend := 0;
      state := if write then Writing else Reading;
      latest := !write;
      recInprog := recInprog + OptSeq(action);
    }

    /** The busy branches of queue. */
    method Merge(write: bool, action: Option<Action>)
      requires Value().Valid() && InProgress()
      modifies this
      ensures Value() == Merged(old(Value()), write, action)
    {
      if state == Writing {
        if write {
          recWrite := recWrite + OptSeq(action);
          writeQueued := true;
        } else {
          recRead := recRead + OptSeq(action);
          readQueued := true;
        }
      } else {
        if write {
          recWrite := recWrite + OptSeq(action);
          writeQueued := true;
        } else {
          recInprog := recInprog + OptSeq(action);
        }
      }
    }

    /** The actions of a queued operation move up to the one about to start. */
    method Promote(write: bool)
      requires Value().Valid()
      modifies this
      ensures Value() == Waiters(old(Value()), write)
    {
      if write {
        writeQueued := false;
        recInprog := recInprog + recWrite;
        recWrite := [];
      } else {
        readQueued := false;
        recInprog := recInprog + recRead;
        recRead := [];
      }
    }

    /** The next word to send: its command, and the data of a write. */
    method NextWord() returns (addr: Word, val: Word)
      requires Value().Valid() && HasUnsent(Value())
      modifies this
      ensures Value() == old(Value()).(nextSend := old(nextSend) + 1)
      ensures addr == old(Value()).Command(old(nextSend)) && val == if state == Reading then 0 else memTx[old(nextSend)]
    {
      var offset := nextSend;
      nextSend := offset + 1;
      addr, val := info.base + offset, 0;
      if state == Reading {
        addr := addr + READ_BIT;
      } else {
        val := memTx[offset];
      }
    }

    /** The answer for one word. */
    method Fill(offset: nat, read: bool, data: Word)
      requires Value().Valid() && offset < info.size
      modifies this
      ensures Value() == Filled(old(Value()), offset, read, data)
    {
      if read {
        memRx := memRx[offset := data];
      }
      if !received[offset] {
        received := received[offset := true];
        nremaining := Decremented(nremaining);
      }
    }

    /** The operation is given up. */
    method Cancel() returns (done: seq<Action>)
      modifies this
      ensures Value() == old(Value()).(state := Invalid, recInprog := [], recWrite := [], recRead := []) && done == Waiting(old(Value()))
    {
      state := Invalid;
      done := Process(true);
    }

    /** Contents in a known state, nothing waiting. */
    method Reset() returns (done: seq<Action>)
      requires Value().Valid()
      modifies this
      ensures Value() == ResetReg(old(Value())) && done == Waiting(old(Value()))
    {
      memRx := Zeros(|memRx|);
      memTx := Zeros(|memTx|);
      done := Process(true);
      state := Invalid;
      readQueued, writeQueued := false, false;
    }
  }

  class DevMsg {
    var state: MsgState
    var seqno: Word
    ghost var attempt: nat
    var reg: seq<Option<RegRef>>
    var buf: seq<Word>
    var due: int
    // message slot
    ghost const index: nat

    constructor (ghost index: nat)
      ensures Value().state == Free && Value().reg == NoRegs() && Value().buf == [] && this.index == index
    {
      this.index := index;
      state, seqno, reg, buf, due := Free, 0, NoRegs(), [], 0;
      attempt := 0;
    }

    ghost function Value(): Msg
      reads this
    {
      Msg(state, seqno, attempt, reg, buf, due)
    }

    method Clear()
      modifies this
      ensures Value() == Cleared(old(Value()))
    {
      state := Free;
      seqno := 0;
      reg := NoRegs();
      buf := [];
    }

    /** Drops the references to registers, one address slot after the other. */
    method Forget()
      requires |reg| == NREG
      modifies this
      ensures Value() == old(Value()).(reg := NoRegs())
    {
      var k := 0;
      while k < NREG
        invariant 0 <= k <= NREG && |reg| == NREG && forall y | 0 <= y < k :: reg[y].None?
        invariant Value() == old(Value()).(reg := reg)
      {
        reg := reg[k := None];
        k := k + 1;
      }
      assert reg == NoRegs();
    }

    /** Puts one operation into address slot j. */
    method Load(j: nat, k: RegRef, w: Word, v: Word)
      requires j < |reg|
      modifies this
      ensures Value() == Loaded(old(Value()), j, k, w, v)
    {
      buf := Resized(buf, 2 * j + 2) + [w, v];
      reg := reg[j := Some(k)];
    }

    /** Pads a short message and writes the header of this attempt. */
    method Frame(i: nat, sendSeq: Word, ghost count: nat)
      requires i < 255 && sendSeq % ADDR_LIMIT == count % ADDR_LIMIT
      modifies this
      ensures Value() == Framed(old(Value()), i, count)
    {
      ghost var b := buf;
      while |buf| < 8
        invariant Padded(buf) == Padded(b)
        decreases 8 - |buf|
        modifies this`buf
      {
        buf := buf + [READ_BIT, 0];
      }
      seqno := i * ADDR_LIMIT + sendSeq % ADDR_LIMIT;
      buf := buf[0 := MAGIC][1 := seqno];
      attempt := count;
    }
  }
}
