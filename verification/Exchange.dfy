/** The client's list operation: any number of reads and writes, cut into messages of at most 127
    of them, padded to at least three, and answered by a device that executes each message. */
module Exchange {
  import opened EngineState
  import opened Peer

  // operations a message takes; with the two words of nonce it fills the 1024 bytes of a reply
  const CHUNK := 127
  const MIN_OPS := 3
  const REPLY_BYTES := 1024

  /** An address with the value to write, or none to read. */
  datatype Op = Op(addr: nat, value: Option<Word>)

  function CommandOf(op: Op): Word {
    op.addr % ADDR_LIMIT + if op.value.None? then READ_BIT else 0
  }

  function DataOf(op: Op): Word {
    if op.value.None? then 0 else op.value.value
  }

  const PAD := Op(0, None)

  function Padding(n: nat): (p: seq<Op>)
    ensures |p| == n && forall i | 0 <= i < n :: p[i] == PAD
  {
    seq(n, _ => PAD)
  }

  function PaddedOps(ops: seq<Op>): (p: seq<Op>)
    ensures ops <= p && |p| >= MIN_OPS && (|ops| >= MIN_OPS ==> p == ops)
  {
    if |ops| < MIN_OPS then ops + Padding(MIN_OPS - |ops|) else ops
  }

  function Body(ops: seq<Op>): (w: seq<Word>)
    ensures |w| == 2 * |ops|
  {
    if ops == [] then [] else [CommandOf(ops[0]), DataOf(ops[0])] + Body(ops[1..])
  }

  /** A random word and its complement, then the operations. */
  function Message(ops: seq<Op>, nonce: Word): (w: seq<Word>)
    ensures |w| == 2 + 2 * |ops|
  {
    [nonce, 0xffff_ffff - nonce] + Body(ops)
  }

  /* ---- what the operations mean, one at a time ---- */

  datatype Effect = Effect(mem: Memory, got: Word)

  /** A read returns the word, or a marker where there is none; a write is echoed. */
  function Do(mem: Memory, op: Op): (e: Effect)
    requires ValidMemory(mem)
    ensures ValidMemory(e.mem)
  {
    var a := op.addr % ADDR_LIMIT;
    match op.value
    case None => Effect(mem, if a in mem then mem[a].value else 0xabad_face)
    case Some(v) => Effect(if a in mem then mem[a := Stored(mem[a], v)] else mem, v)
  }

  function DoAll(mem: Memory, ops: seq<Op>): (m: Memory)
    requires ValidMemory(mem)
    ensures ValidMemory(m)
  {
    if ops == [] then mem else DoAll(Do(mem, ops[0]).mem, ops[1..])
  }

  function Results(mem: Memory, ops: seq<Op>): (r: seq<Word>)
    requires ValidMemory(mem)
    ensures |r| == |ops|
  {
    if ops == [] then [] else [Do(mem, ops[0]).got] + Results(Do(mem, ops[0]).mem, ops[1..])
  }

  lemma {:induction false} DoConcat(mem: Memory, a: seq<Op>, b: seq<Op>)
    requires ValidMemory(mem)
    ensures DoAll(mem, a + b) == DoAll(DoAll(mem, a), b)
    ensures Results(mem, a + b) == Results(mem, a) + Results(DoAll(mem, a), b)
  {
    if a == [] {
      assert a + b == b;
    } else {
      assert (a + b)[1..] == a[1..] + b;
      DoConcat(Do(mem, a[0]).mem, a[1..], b);
    }
  }

  lemma {:induction false} PaddingIdle(mem: Memory, n: nat)
    requires ValidMemory(mem)
    ensures DoAll(mem, Padding(n)) == mem
  {
    if n > 0 {
      PaddingIdle(mem, n - 1);
      assert Padding(n)[1..] == Padding(n - 1);
    }
  }

  /* ---- the device executes a message ---- */

  function Answered(ops: seq<Op>, results: seq<Word>): (w: seq<Word>)
    requires |results| == |ops|
    ensures |w| == 2 * |ops|
  {
    if ops == [] then [] else [CommandOf(ops[0]), results[0]] + Answered(ops[1..], results[1..])
  }

  lemma CommandMeans(op: Op)
    ensures IsRead(CommandOf(op)) <==> op.value.None?
    ensures CommandOf(op) % ADDR_LIMIT == op.addr % ADDR_LIMIT
  {
  }

  /** Executing the words of a message is doing its operations in order. */
  lemma {:induction false} ExecBody(mem: Memory, front: seq<Word>, ops: seq<Op>)
    requires ValidMemory(mem)
    ensures Exec(mem, front + Body(ops), |front|) == Answer(DoAll(mem, ops), front + Answered(ops, Results(mem, ops)))
    decreases |ops|
  {
    hide Exec, Serve, Do, CommandOf, DataOf, Answered, Results, Body;
    if ops == [] {
      ExecEnd(mem, front, |front|);
      EmptyBody(mem, front);
    } else {
      var op := ops[0];
      FirstBody(mem, front, ops);
      ServeOne(mem, front, op, Body(ops[1..]));
      ExecStep(mem, front + Body(ops), |front|);
      ExecBody(Do(mem, op).mem, front + [CommandOf(op), Do(mem, op).got], ops[1..]);
    }
  }

  lemma EmptyBody(mem: Memory, front: seq<Word>)
    requires ValidMemory(mem)
    ensures front + Body([]) == front && front + Answered([], Results(mem, [])) == front && DoAll(mem, []) == mem
  {
  }

  lemma FirstBody(mem: Memory, front: seq<Word>, ops: seq<Op>)
    requires ValidMemory(mem) && ops != []
    ensures var op := ops[0];
      var e := Do(mem, op);
      && front + Body(ops) == front + [CommandOf(op), DataOf(op)] + Body(ops[1..])
      && front + [CommandOf(op), e.got] + Answered(ops[1..], Results(e.mem, ops[1..])) == front + Answered(ops, Results(mem, ops))
      && DoAll(mem, ops) == DoAll(e.mem, ops[1..])
  {
    hide Do, CommandOf, DataOf;
    var op := ops[0];
    var e := Do(mem, op);
    var res := Results(mem, ops);
    assert res[1..] == Results(e.mem, ops[1..]);
    assert Answered(ops, res) == [CommandOf(op), e.got] + Answered(ops[1..], res[1..]);
  }

  lemma ServeOne(mem: Memory, front: seq<Word>, op: Op, rest: seq<Word>)
    requires ValidMemory(mem)
    ensures Serve(mem, front + [CommandOf(op), DataOf(op)] + rest, |front|)
      == Answer(Do(mem, op).mem, front + [CommandOf(op), Do(mem, op).got] + rest)
  {
    CommandMeans(op);
    var w := front + [CommandOf(op), DataOf(op)] + rest;
    assert w[|front|] == CommandOf(op) && w[|front| + 1] == DataOf(op);
    var got := Do(mem, op).got;
    assert w[|front| + 1 := got] == front + [CommandOf(op), got] + rest;
    assert w[|front| + 1 := DataOf(op)] == w;
  }

  /* ---- one message ---- */

  /** A datagram without the bytes behind its last whole pair of words. */
  function Trimmed(p: seq<Word>): (q: seq<Word>)
    ensures |q| % 2 == 0
  {
    p[..|p| / 2 * 2]
  }

  /** As long as the message, with its nonce and its commands. */
  predicate Accepts(msg: seq<Word>, q: seq<Word>) {
    |q| == |msg| >= 2 && q[0] == msg[0] && q[1] == msg[1] && forall x | 2 <= x < |msg| && x % 2 == 0 :: q[x] == msg[x]
  }

  function FirstAccepted(msg: seq<Word>, inbox: seq<seq<Word>>): (r: Option<seq<Word>>)
    ensures r.Some? ==> Accepts(msg, r.value)
  {
    if inbox == [] then None
    else if Accepts(msg, Trimmed(inbox[0])) then Some(Trimmed(inbox[0]))
    else FirstAccepted(msg, inbox[1..])
  }

  /** The answer words of a reply. */
  function AnswersOf(q: seq<Word>): seq<Word> {
    if |q| < 4 then [] else [q[3]] + AnswersOf(q[..2] + q[4..])
  }

  function Outcome(ops: seq<Op>, nonce: Word, inbox: seq<seq<Word>>): Option<seq<Word>> {
    var r := FirstAccepted(Message(PaddedOps(ops), nonce), inbox);
    if r.None? then None else Some(Cut(AnswersOf(r.value), |ops|))
  }

  function Cut(w: seq<Word>, n: nat): seq<Word> {
    if n <= |w| then w[..n] else w
  }

  /** What reaches the client: anything at all, but nobody else knows the nonce of this message,
      so a packet that carries it is the device's reply. */
  ghost predicate Honest(inbox: seq<seq<Word>>, mem: Memory, msg: seq<Word>) {
    && ValidMemory(mem)
    && forall x | 0 <= x < |inbox| && |inbox[x]| >= 2 && |msg| >= 2 && inbox[x][0] == msg[0] && inbox[x][1] == msg[1] ::
      inbox[x] == Exec(mem, msg, 2).words
  }

  lemma {:induction false} AnsweredWords(nonce: seq<Word>, ops: seq<Op>, results: seq<Word>)
    requires |results| == |ops| && |nonce| == 2
    ensures AnswersOf(nonce + Answered(ops, results)) == results
  {
    if ops != [] {
      var q := nonce + Answered(ops, results);
      assert q[3] == results[0];
      assert q[..2] + q[4..] == nonce + Answered(ops[1..], results[1..]);
      AnsweredWords(nonce, ops[1..], results[1..]);
    }
  }

  lemma {:induction false} FirstHonest(msg: seq<Word>, inbox: seq<seq<Word>>, mem: Memory)
    requires Honest(inbox, mem, msg) && |msg| % 2 == 0
    ensures FirstAccepted(msg, inbox).Some? ==> FirstAccepted(msg, inbox).value == Exec(mem, msg, 2).words
  {
    if inbox != [] {
      var p := inbox[0];
      if Accepts(msg, Trimmed(p)) {
        assert p[0] == Trimmed(p)[0] && p[1] == Trimmed(p)[1];
        assert p == Exec(mem, msg, 2).words;
        assert |p| / 2 * 2 == |p|;
        assert Trimmed(p) == p;
      } else {
        assert Honest(inbox[1..], mem, msg) by {
          assert forall x | 0 <= x < |inbox| - 1 :: inbox[1..][x] == inbox[x + 1];
        }
        FirstHonest(msg, inbox[1..], mem);
      }
    }
  }

  lemma HonestMemory(inbox: seq<seq<Word>>, mem: Memory, msg: seq<Word>)
    requires Honest(inbox, mem, msg)
    ensures ValidMemory(mem)
  {
  }

  /** One message, if it is answered at all, returns what its operations mean, padding left out. */
  lemma OneMessage(ops: seq<Op>, nonce: Word, inbox: seq<seq<Word>>, mem: Memory)
    requires Honest(inbox, mem, Message(PaddedOps(ops), nonce))
    ensures Outcome(ops, nonce, inbox).Some? ==> Outcome(ops, nonce, inbox).value == Results(mem, ops)
    ensures Exec(mem, Message(PaddedOps(ops), nonce), 2).mem == DoAll(mem, ops)
  {
    hide Exec, Results, DoAll, FirstAccepted, Honest, AnswersOf;
    var p := PaddedOps(ops);
    var msg := Message(p, nonce);
    assert ValidMemory(mem) by { HonestMemory(inbox, mem, msg); }
    FirstHonest(msg, inbox, mem);
    ExecBody(mem, [nonce, 0xffff_ffff - nonce], p);
    AnsweredWords([nonce, 0xffff_ffff - nonce], p, Results(mem, p));
    assert p == ops + Padding(|p| - |ops|);
    DoConcat(mem, ops, Padding(|p| - |ops|));
    PaddingIdle(DoAll(mem, ops), |p| - |ops|);
    assert Results(mem, p)[..|ops|] == Results(mem, ops);
  }

  /** The device's reply is accepted, and it fits the receive buffer. */
  lemma ReplyAccepted(ops: seq<Op>, nonce: Word, mem: Memory)
    requires ValidMemory(mem) && |ops| <= CHUNK
    ensures var msg := Message(PaddedOps(ops), nonce);
      Accepts(msg, Trimmed(Exec(mem, msg, 2).words)) && 32 <= 4 * |msg| <= REPLY_BYTES
  {
    var p := PaddedOps(ops);
    var front := [nonce, 0xffff_ffff - nonce];
    ExecBody(mem, front, p);
    var w := Exec(mem, Message(p, nonce), 2).words;
    assert |w| / 2 * 2 == |w|;
    forall x | 2 <= x < |w| && x % 2 == 0 ensures w[x] == Message(p, nonce)[x] {
      ExecEchoes(mem, Message(p, nonce), 2, x);
    }
  }

  lemma {:induction false} SomeAccepted(msg: seq<Word>, inbox: seq<seq<Word>>, x: nat)
    requires x < |inbox| && Accepts(msg, Trimmed(inbox[x]))
    ensures FirstAccepted(msg, inbox).Some?
  {
    hide Accepts, Trimmed;
    if x > 0 {
      SomeAccepted(msg, inbox[1..], x - 1);
    }
  }

  /** The device's reply is somewhere in the mailbox. */
  ghost predicate Replied(inbox: seq<seq<Word>>, mem: Memory, msg: seq<Word>) {
    ValidMemory(mem) && Exec(mem, msg, 2).words in inbox
  }

  /** A message whose reply arrives, behind whatever else, returns what its operations mean. */
  lemma ReplyReturns(ops: seq<Op>, nonce: Word, inbox: seq<seq<Word>>, mem: Memory)
    requires Honest(inbox, mem, Message(PaddedOps(ops), nonce)) && Replied(inbox, mem, Message(PaddedOps(ops), nonce)) && |ops| <= CHUNK
    ensures Outcome(ops, nonce, inbox) == Some(Results(mem, ops))
  {
    hide Exec, Results, Honest, Accepts, FirstAccepted, AnswersOf, Message, PaddedOps;
    var msg := Message(PaddedOps(ops), nonce);
    OneMessage(ops, nonce, inbox, mem);
    ReplyAccepted(ops, nonce, mem);
    var x :| 0 <= x < |inbox| && inbox[x] == Exec(mem, msg, 2).words;
    SomeAccepted(msg, inbox, x);
  }

  /* ---- the whole list ---- */

  /** The environment of a list operation: a nonce and a mailbox for every message. */
  datatype Turn = Turn(nonce: Word, inbox: seq<seq<Word>>)

  function Tail(n: nat): nat {
    if n < CHUNK then n else CHUNK
  }

  /** Message after message; without an answer the operation times out. */
  function ListOutcome(ops: seq<Op>, turns: seq<Turn>): Option<seq<Word>>
    decreases |ops|
  {
    if ops == [] then Some([])
    else if turns == [] then None
    else
      var n := Tail(|ops|);
      var one := Outcome(ops[..n], turns[0].nonce, turns[0].inbox);
      var rest := ListOutcome(ops[n..], turns[1..]);
      if one.None? || rest.None? then None else Some(one.value + rest.value)
  }

  /** Every mailbox is honest about the memory that the earlier messages have left. */
  ghost predicate AllHonest(ops: seq<Op>, turns: seq<Turn>, mem: Memory)
    decreases |ops|
  {
    ops == [] || turns == [] ||
    (var n := Tail(|ops|);
     && Honest(turns[0].inbox, mem, Message(PaddedOps(ops[..n]), turns[0].nonce))
     && AllHonest(ops[n..], turns[1..], DoAll(mem, ops[..n])))
  }

  /** THE EXCHANGE THEOREM. However the list is cut and padded, and whatever else arrives: a result
      is the results of the operations done one at a time in order. */
  lemma {:induction false} ExchangeMeans(ops: seq<Op>, turns: seq<Turn>, mem: Memory)
    requires ValidMemory(mem) && AllHonest(ops, turns, mem)
    ensures ListOutcome(ops, turns).Some? ==> ListOutcome(ops, turns).value == Results(mem, ops)
    decreases |ops|
  {
    hide Outcome, Honest, Results, DoAll, Message, PaddedOps;
    if ops == [] {
      NoResults(mem);
    } else if turns != [] {
      var n := Tail(|ops|);
      OneMessage(ops[..n], turns[0].nonce, turns[0].inbox, mem);
      ExchangeMeans(ops[n..], turns[1..], DoAll(mem, ops[..n]));
      DoConcat(mem, ops[..n], ops[n..]);
      assert ops == ops[..n] + ops[n..];
    }
  }

  /** There is a turn for every message, and its reply arrives. */
  ghost predicate AllReplied(ops: seq<Op>, turns: seq<Turn>, mem: Memory)
    decreases |ops|
  {
    ops == [] ||
    (var n := Tail(|ops|);
     && turns != [] && Replied(turns[0].inbox, mem, Message(PaddedOps(ops[..n]), turns[0].nonce))
     && AllReplied(ops[n..], turns[1..], DoAll(mem, ops[..n])))
  }

  /** And when every reply arrives there is a result. */
  lemma {:induction false} ExchangeReturns(ops: seq<Op>, turns: seq<Turn>, mem: Memory)
    requires ValidMemory(mem) && AllHonest(ops, turns, mem) && AllReplied(ops, turns, mem)
    ensures ListOutcome(ops, turns) == Some(Results(mem, ops))
    decreases |ops|
  {
    hide Outcome, Honest, Replied, Results, DoAll, Message, PaddedOps;
    if ops == [] {
      NoResults(mem);
    } else {
      var n := Tail(|ops|);
      ReplyReturns(ops[..n], turns[0].nonce, turns[0].inbox, mem);
      ExchangeReturns(ops[n..], turns[1..], DoAll(mem, ops[..n]));
      DoConcat(mem, ops[..n], ops[n..]);
      assert ops == ops[..n] + ops[n..];
    }
  }

  lemma NoResults(mem: Memory)
    requires ValidMemory(mem)
    ensures Results(mem, []) == []
  {
  }

  // _exchange; the inbox is what recvfrom() returns until it times out
  method ExchangeOne(addrs: seq<nat>, values: seq<Option<Word>>, nonce: Word, inbox: seq<seq<Word>>) returns (r: Option<seq<Word>>)
    requires |addrs| == |values|
    ensures r == Outcome(Zip(addrs, values), nonce, inbox)
  {
    var a, v := addrs, values;
    var pad := 0;
    if |a| < MIN_OPS {
      pad := MIN_OPS - |a|;
      a := a + seq(pad, _ => 0);
      v := v + seq(pad, _ => None);
    }
    assert Zip(a, v) == PaddedOps(Zip(addrs, values));
    var msg := BuildMessage(a, v, nonce);
    hide Zip, Message, FirstAccepted, AnswersOf;
    var reply := AwaitReply(msg, inbox);
    if reply.None? {
      return None;
    }
    var ret := AnswersOf(reply.value);
    AnswerCount(reply.value);
    assert |ret| == |a| && ret[..|ret|] == ret;
    return Some(if pad > 0 then ret[..|ret| - pad] else ret);
  }

  /** A random word and its complement, then a command and a value for each operation. */
  method BuildMessage(a: seq<nat>, v: seq<Option<Word>>, nonce: Word) returns (msg: seq<Word>)
    requires |a| == |v|
    ensures msg == Message(Zip(a, v), nonce)
  {
    ghost var ops := Zip(a, v);
    msg := [nonce, 0xffff_ffff - nonce];
    MessageStart(ops, nonce);
    hide Zip, Message;
    var i := 0;
    while i < |a|
      invariant 0 <= i <= |a| && msg == Message(ops[..i], nonce)
    {
      var cmd := a[i] % ADDR_LIMIT;
      if v[i].None? {
        cmd := cmd + READ_BIT;
      }
      MessageNext(ops, i, nonce);
      msg := msg + [cmd, if v[i].None? then 0 else v[i].value];
      i := i + 1;
    }
    assert ops[..i] == ops;
  }

  /** Packets are dropped until one answers the message. */
  method AwaitReply(msg: seq<Word>, inbox: seq<seq<Word>>) returns (r: Option<seq<Word>>)
    ensures r == FirstAccepted(msg, inbox)
  {
    assert inbox[0..] == inbox;
    hide FirstAccepted, Accepts, Trimmed;
    var x := 0;
    while x < |inbox|
      invariant 0 <= x <= |inbox| && FirstAccepted(msg, inbox[x..]) == FirstAccepted(msg, inbox)
    {
      NextReply(msg, inbox, x);
      var q := Trimmed(inbox[x]);
      if Accepts(msg, q) {
        return Some(q);
      }
      x := x + 1;
    }
    NextReply(msg, inbox, x);
    return None;
  }

  lemma NextReply(msg: seq<Word>, inbox: seq<seq<Word>>, x: nat)
    requires x <= |inbox|
    ensures FirstAccepted(msg, inbox[x..]) ==
      if x == |inbox| then None
      else if Accepts(msg, Trimmed(inbox[x])) then Some(Trimmed(inbox[x]))
      else FirstAccepted(msg, inbox[x + 1..])
  {
    if x < |inbox| {
      assert inbox[x..][0] == inbox[x] && inbox[x..][1..] == inbox[x + 1..];
    }
  }

  function Zip(addrs: seq<nat>, values: seq<Option<Word>>): (ops: seq<Op>)
    requires |addrs| == |values|
    ensures |ops| == |addrs| && forall i | 0 <= i < |addrs| :: ops[i] == Op(addrs[i], values[i])
  {
    seq(|addrs|, i requires 0 <= i < |addrs| => Op(addrs[i], values[i]))
  }

  lemma {:induction false} BodyConcat(a: seq<Op>, b: seq<Op>)
    ensures Body(a + b) == Body(a) + Body(b)
  {
    if a == [] {
      assert a + b == b;
    } else {
      assert (a + b)[1..] == a[1..] + b;
      BodyConcat(a[1..], b);
    }
  }

  lemma BodyNext(ops: seq<Op>, i: nat)
    requires i < |ops|
    ensures Body(ops[..i + 1]) == Body(ops[..i]) + [CommandOf(ops[i]), DataOf(ops[i])]
  {
    assert ops[..i + 1] == ops[..i] + [ops[i]];
    BodyConcat(ops[..i], [ops[i]]);
    assert [ops[i]][1..] == [] && Body([]) == [];
  }

  lemma MessageStart(ops: seq<Op>, nonce: Word)
    ensures Message(ops[..0], nonce) == [nonce, 0xffff_ffff - nonce]
  {
  }

  lemma MessageNext(ops: seq<Op>, i: nat, nonce: Word)
    requires i < |ops|
    ensures Message(ops[..i + 1], nonce) == Message(ops[..i], nonce) + [CommandOf(ops[i]), DataOf(ops[i])]
  {
    BodyNext(ops, i);
  }

  lemma {:induction false} AnswerCount(q: seq<Word>)
    requires |q| >= 2 && |q| % 2 == 0
    ensures |AnswersOf(q)| == |q| / 2 - 1
    decreases |q|
  {
    if |q| >= 4 {
      AnswerCount(q[..2] + q[4..]);
    }
  }

  // exchange
  method ExchangeAll(addrs: seq<nat>, values: seq<Option<Word>>, turns: seq<Turn>) returns (r: Option<seq<Word>>)
    requires |addrs| == |values|
    ensures r == ListOutcome(Zip(addrs, values), turns)
  {
    hide ListOutcome, Outcome;
    ghost var ops := Zip(addrs, values);
    var ret: seq<Word> := [];
    var i, t := 0, 0;
    assert ops[0..] == ops && turns[0..] == turns;
    Gluing([], ListOutcome(ops, turns));
    while i < |addrs|
      invariant 0 <= i <= |addrs| && 0 <= t <= |turns|
      invariant ListOutcome(ops, turns) == Glued(ret, ListOutcome(ops[i..], turns[t..]))
      decreases |addrs| - i
    {
      if t == |turns| {
        NoTurns(ops[i..], turns[t..]);
        return None;
      }
      var n := if i + CHUNK < |addrs| then CHUNK else |addrs| - i;
      assert Zip(addrs[i..i + n], values[i..i + n]) == ops[i..i + n];
      ListStep(ops, turns, i, t, n);
      var one := ExchangeOne(addrs[i..i + n], values[i..i + n], turns[t].nonce, turns[t].inbox);
      if one.None? {
        return None;
      }
      GluedTwice(ret, one.value, ListOutcome(ops[i + n..], turns[t + 1..]));
      ret := ret + one.value;
      i, t := i + n, t + 1;
    }
    assert ops[i..] == [];
    NoOps(turns[t..]);
    assert ret + [] == ret;
    return Some(ret);
  }

  lemma NoOps(turns: seq<Turn>)
    ensures ListOutcome([], turns) == Some([])
  {
  }

  lemma NoTurns(ops: seq<Op>, turns: seq<Turn>)
    requires ops != [] && turns == []
    ensures ListOutcome(ops, turns) == None
  {
  }

  lemma ListStep(ops: seq<Op>, turns: seq<Turn>, i: nat, t: nat, n: nat)
    requires i < |ops| && t < |turns| && n == Tail(|ops| - i) && n <= |ops| - i
    ensures var one := Outcome(ops[i..i + n], turns[t].nonce, turns[t].inbox);
      ListOutcome(ops[i..], turns[t..]) == if one.None? then None else Glued(one.value, ListOutcome(ops[i + n..], turns[t + 1..]))
  {
    hide Outcome;
    assert ops[i..][..n] == ops[i..i + n];
    assert ops[i..][n..] == ops[i + n..] && turns[t..][1..] == turns[t + 1..] && turns[t..][0] == turns[t];
  }

  function Glued(front: seq<Word>, rest: Option<seq<Word>>): Option<seq<Word>> {
    if rest.None? then None else Some(front + rest.value)
  }

  lemma Gluing(front: seq<Word>, rest: Option<seq<Word>>)
    requires front == []
    ensures Glued(front, rest) == rest
  {
    if rest.Some? {
      assert front + rest.value == rest.value;
    }
  }

  lemma GluedTwice(a: seq<Word>, b: seq<Word>, rest: Option<seq<Word>>)
    ensures Glued(a, Glued(b, rest)) == Glued(a + b, rest)
  {
    if rest.Some? {
      assert a + (b + rest.value) == a + b + rest.value;
    }
  }
}
